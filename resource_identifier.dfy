/**
 * The identifier grammar of the module resource loader: a string of the
 * form `vendor/package:resource`, anchored at both ends, with optional
 * ASCII spaces before the vendor and on either side of the colon.
 * As a regular expression it is
 *     ^ *(?<module>[^/: ]+/[^/: ]+) *: *(?<resource>[^ ]*)$
 * Here it is written twice: as `Render`, which builds every string the
 * grammar accepts from its parts (a `Layout`), and as `ParseLayout`, a
 * left-to-right scanner. The two are proved inverse to each other.
 */
module ResourceIdentifier {
  import opened Wrappers

  /** A character allowed in the vendor or package segment: anything but '/', ':' and space. */
  predicate IsSegmentChar(c: char)
  {
    c != '/' && c != ':' && c != ' '
  }

  /** A vendor or package segment: `[^/: ]+`. */
  predicate IsSegment(s: string)
  {
    |s| > 0 && forall i :: 0 <= i < |s| ==> IsSegmentChar(s[i])
  }

  /** A resource part: `[^ ]*`. It may contain '/' and ':' but no space. */
  predicate NoSpace(s: string)
  {
    forall i :: 0 <= i < |s| ==> s[i] != ' '
  }

  /** `n` ASCII spaces. */
  function Spaces(n: nat): (s: string)
    ensures |s| == n && forall i :: 0 <= i < n ==> s[i] == ' '
  {
    seq(n, _ => ' ')
  }

  /** What follows the package: `beforeColon` spaces, ':', `afterColon` spaces, the resource. */
  datatype Tail = Tail(beforeColon: nat, afterColon: nat, resource: string)

  /**
   * One way of writing an identifier: `lead` spaces, the vendor, '/', the
   * package and the tail.
   */
  datatype Layout = Layout(lead: nat, vendor: string, package: string, tail: Tail)
  {
    /** The parts satisfy the character classes of the grammar. */
    predicate WellFormed()
    {
      IsSegment(vendor) && IsSegment(package) && NoSpace(tail.resource)
    }

    /** The `module` capture group: `vendor/package`. */
    function ModuleKey(): string
    {
      vendor + "/" + package
    }
  }

  function RenderTail(t: Tail): string
  {
    Spaces(t.beforeColon) + (":" + (Spaces(t.afterColon) + t.resource))
  }

  /**
   * The string a layout stands for. The well-formed layouts render exactly
   * the strings the grammar accepts.
   */
  function Render(l: Layout): string
  {
    Spaces(l.lead) + (l.vendor + ("/" + (l.package + RenderTail(l.tail))))
  }

  /** The two capture groups of a successful match. */
  datatype QualifiedId = QualifiedId(moduleKey: string, subPath: string)

  /** A module key `vendor/package`: two segments joined by exactly one '/'. */
  ghost predicate IsModuleKey(m: string)
  {
    exists i :: 0 <= i < |m| && m[i] == '/' && IsSegment(m[..i]) && IsSegment(m[i + 1..])
  }

  /** The number of leading spaces of `s`. */
  function CountSpaces(s: string): (n: nat)
    ensures n <= |s|
    ensures forall i :: 0 <= i < n ==> s[i] == ' '
    ensures n < |s| ==> s[n] != ' '
  {
    if |s| > 0 && s[0] == ' ' then 1 + CountSpaces(s[1..]) else 0
  }

  /** The length of the longest prefix of `s` made of segment characters. */
  function SegmentLength(s: string): (n: nat)
    ensures n <= |s|
    ensures forall i :: 0 <= i < n ==> IsSegmentChar(s[i])
    ensures n < |s| ==> !IsSegmentChar(s[n])
  {
    if |s| > 0 && IsSegmentChar(s[0]) then 1 + SegmentLength(s[1..]) else 0
  }

  /** A string that starts with `n` spaces is those spaces followed by the rest. */
  lemma SplitSpaces(s: string, n: nat)
    requires n <= |s| && forall i :: 0 <= i < n ==> s[i] == ' '
    ensures s == Spaces(n) + s[n..]
  {
    assert s[..n] == Spaces(n);
    assert s == s[..n] + s[n..];
  }

  /**
   * Scans ` *: *[^ ]*` up to the end: spaces, the colon, spaces, and a
   * space-free rest.
   */
  function ParseTail(s: string): (r: Option<Tail>)
    ensures r.Some? ==> NoSpace(r.value.resource) && s == RenderTail(r.value)
  {
    var b := CountSpaces(s);
    if b == |s| || s[b] != ':' then None
    else
      var rest := s[b + 1..];
      var c := CountSpaces(rest);
      if !NoSpace(rest[c..]) then None
      else
        TailSplit(s, b, rest, c);
        Some(Tail(b, c, rest[c..]))
  }

  lemma TailSplit(s: string, b: nat, rest: string, c: nat)
    requires b < |s| && s[b] == ':' && rest == s[b + 1..] && c <= |rest|
    requires forall i :: 0 <= i < b ==> s[i] == ' '
    requires forall i :: 0 <= i < c ==> rest[i] == ' '
    ensures s == RenderTail(Tail(b, c, rest[c..]))
  {
    SplitSpaces(rest, c);
    SplitSpaces(s, b);
    assert s[b..] == ":" + rest;
  }

  /** Scans `[^/: ]+ *: *[^ ]*` up to the end: the package and the tail. */
  function ParsePackage(s: string): (r: Option<(string, Tail)>)
    ensures r.Some? ==> IsSegment(r.value.0) && NoSpace(r.value.1.resource)
    ensures r.Some? ==> s == r.value.0 + RenderTail(r.value.1)
  {
    var p := SegmentLength(s);
    if p == 0 then None
    else
      match ParseTail(s[p..])
      case None => None
      case Some(t) =>
        assert s == s[..p] + s[p..];
        Some((s[..p], t))
  }

  /** Scans `[^/: ]+/[^/: ]+ *: *[^ ]*` up to the end: vendor, package and tail. */
  function ParseQualified(s: string): (r: Option<(string, string, Tail)>)
    ensures r.Some? ==> IsSegment(r.value.0) && IsSegment(r.value.1) && NoSpace(r.value.2.resource)
    ensures r.Some? ==> s == r.value.0 + ("/" + (r.value.1 + RenderTail(r.value.2)))
  {
    var v := SegmentLength(s);
    if v == 0 || v == |s| || s[v] != '/' then None
    else
      match ParsePackage(s[v + 1..])
      case None => None
      case Some((package, t)) =>
        SplitAt(s, v);
        Some((s[..v], package, t))
  }

  /** Cutting a string around position `v`; kept apart so the scanner's proof stays small. */
  lemma SplitAt(s: string, v: nat)
    requires v < |s|
    ensures s == s[..v] + ([s[v]] + s[v + 1..])
  {
  }

  /**
   * The scanner: skip leading spaces, take the vendor up to the first '/',
   * take the package up to the next '/', ':' or space, skip spaces, demand
   * ':', skip spaces, and demand that the rest has no space. Whatever it
   * returns is well formed and renders back to the input.
   */
  function ParseLayout(raw: string): (r: Option<Layout>)
    ensures r.Some? ==> r.value.WellFormed() && Render(r.value) == raw
  {
    var lead := CountSpaces(raw);
    match ParseQualified(raw[lead..])
    case None => None
    case Some((vendor, package, t)) =>
      SplitSpaces(raw, lead);
      Some(Layout(lead, vendor, package, t))
  }

  /**
   * `preg_match` of the identifier pattern: the `module` and `resource`
   * groups on a match, None otherwise. On a match the module is a proper
   * `vendor/package` key and the resource has no space.
   */
  function Parse(raw: string): (r: Option<QualifiedId>)
    ensures r.Some? ==> IsModuleKey(r.value.moduleKey) && NoSpace(r.value.subPath)
  {
    match ParseLayout(raw)
    case None => None
    case Some(l) =>
      ModuleKeyOfSegments(l.vendor, l.package);
      Some(QualifiedId(l.ModuleKey(), l.tail.resource))
  }

  lemma ModuleKeyOfSegments(vendor: string, package: string)
    requires IsSegment(vendor) && IsSegment(package)
    ensures IsModuleKey(vendor + "/" + package)
  {
    var m := vendor + "/" + package;
    assert m[|vendor|] == '/' && m[..|vendor|] == vendor && m[|vendor| + 1..] == package;
  }

  lemma CountSpacesOfPadded(n: nat, rest: string)
    requires rest == [] || rest[0] != ' '
    ensures CountSpaces(Spaces(n) + rest) == n
  {
    var s := Spaces(n) + rest;
    assert forall i :: 0 <= i < n ==> s[i] == ' ';
    assert n < |s| ==> s[n] == rest[0];
  }

  lemma SegmentLengthOfSegment(seg: string, rest: string)
    requires IsSegment(seg) && (rest == [] || !IsSegmentChar(rest[0]))
    ensures SegmentLength(seg + rest) == |seg|
  {
    var s := seg + rest;
    assert forall i :: 0 <= i < |seg| ==> s[i] == seg[i];
    assert |seg| < |s| ==> s[|seg|] == rest[0];
  }

  lemma AfterSpaces(n: nat, c: char, rest: string)
    ensures (Spaces(n) + ([c] + rest))[n] == c
    ensures (Spaces(n) + ([c] + rest))[n + 1..] == rest
  {
    var s := Spaces(n) + ([c] + rest);
    assert s[n..] == [c] + rest;
  }

  /**
   * Scanning a rendered tail whose resource does not start with a space
   * succeeds exactly when the resource has no space at all.
   */
  lemma TailRoundTrip(t: Tail)
    requires t.resource == [] || t.resource[0] != ' '
    ensures ParseTail(RenderTail(t)) == if NoSpace(t.resource) then Some(t) else None
  {
    var rest := Spaces(t.afterColon) + t.resource;
    CountSpacesOfPadded(t.beforeColon, ":" + rest);
    AfterSpaces(t.beforeColon, ':', rest);
    CountSpacesOfPadded(t.afterColon, t.resource);
    assert rest[t.afterColon..] == t.resource;
  }

  lemma PackageRoundTrip(package: string, t: Tail)
    requires IsSegment(package) && (t.resource == [] || t.resource[0] != ' ')
    ensures ParsePackage(package + RenderTail(t)) == if NoSpace(t.resource) then Some((package, t)) else None
  {
    var tail := RenderTail(t);
    var s := package + tail;
    assert tail[0] == ' ' || tail[0] == ':';
    SegmentLengthOfSegment(package, tail);
    assert s[..|package|] == package;
    assert s[|package|..] == tail;
    TailRoundTrip(t);
  }

  lemma QualifiedRoundTrip(vendor: string, package: string, t: Tail)
    requires IsSegment(vendor) && IsSegment(package) && (t.resource == [] || t.resource[0] != ' ')
    ensures ParseQualified(vendor + ("/" + (package + RenderTail(t))))
         == if NoSpace(t.resource) then Some((vendor, package, t)) else None
  {
    var s2 := package + RenderTail(t);
    var s1 := vendor + ("/" + s2);
    SegmentLengthOfSegment(vendor, "/" + s2);
    assert s1[|vendor|] == '/';
    assert s1[..|vendor|] == vendor;
    assert s1[|vendor| + 1..] == s2;
    PackageRoundTrip(package, t);
  }

  /**
   * Scanning the rendering of a layout with proper segments and a resource
   * that does not start with a space: it matches, as that very layout,
   * exactly when the resource has no space.
   */
  lemma RenderScan(l: Layout)
    requires IsSegment(l.vendor) && IsSegment(l.package)
    requires l.tail.resource == [] || l.tail.resource[0] != ' '
    ensures ParseLayout(Render(l)) == if NoSpace(l.tail.resource) then Some(l) else None
  {
    var raw := Render(l);
    var s1 := l.vendor + ("/" + (l.package + RenderTail(l.tail)));
    assert s1[0] == l.vendor[0];
    CountSpacesOfPadded(l.lead, s1);
    assert raw[l.lead..] == s1;
    QualifiedRoundTrip(l.vendor, l.package, l.tail);
  }

  /** Round trip: scanning a rendered well-formed layout gives back that layout. */
  lemma ParseRender(l: Layout)
    requires l.WellFormed()
    ensures ParseLayout(Render(l)) == Some(l)
  {
    assert l.tail.resource == [] || l.tail.resource[0] != ' ';
    RenderScan(l);
  }

  /** A string matches the grammar as layout `l` exactly when it is the rendering of `l`. */
  lemma ParseMeansRender(raw: string, l: Layout)
    requires l.WellFormed()
    ensures ParseLayout(raw) == Some(l) <==> Render(l) == raw
  {
    if Render(l) == raw {
      ParseRender(l);
    }
  }

  /** Parsing an identifier built from valid parts yields exactly its two capture groups. */
  lemma ParseOfIdentifier(lead: nat, vendor: string, package: string, before: nat, after: nat, resource: string)
    requires IsSegment(vendor) && IsSegment(package) && NoSpace(resource)
    ensures Parse(Spaces(lead) + vendor + "/" + package + Spaces(before) + ":" + Spaces(after) + resource)
         == Some(QualifiedId(vendor + "/" + package, resource))
  {
    var l := Layout(lead, vendor, package, Tail(before, after, resource));
    assert Render(l) == Spaces(lead) + vendor + "/" + package + Spaces(before) + ":" + Spaces(after) + resource;
    ParseRender(l);
  }

  /** The plain form `vendor/package:resource` parses into its module and resource. */
  lemma ParseRoundTrip(vendor: string, package: string, resource: string)
    requires IsSegment(vendor) && IsSegment(package) && NoSpace(resource)
    ensures Parse(vendor + "/" + package + ":" + resource) == Some(QualifiedId(vendor + "/" + package, resource))
  {
    var l := Layout(0, vendor, package, Tail(0, 0, resource));
    assert Render(l) == vendor + "/" + package + ":" + resource;
    ParseRender(l);
  }

  /** Leading spaces are ignored: one more in front changes neither the verdict nor the groups. */
  lemma LeadingSpaceIgnored(raw: string)
    ensures Parse(" " + raw) == Parse(raw)
  {
    var s := " " + raw;
    assert s[1..] == raw;
    assert CountSpaces(s) == 1 + CountSpaces(raw);
    assert s[CountSpaces(s)..] == raw[CountSpaces(raw)..];
  }

  /** Spaces on either side of the colon are ignored. */
  lemma ColonSpacingIgnored(l: Layout, before: nat, after: nat)
    requires l.WellFormed()
    ensures Parse(Render(l)) == Parse(Render(l.(tail := Tail(before, after, l.tail.resource))))
  {
    ParseRender(l);
    ParseRender(l.(tail := Tail(before, after, l.tail.resource)));
  }

  /** An empty resource (`vendor/package:`) is accepted and names the module root. */
  lemma EmptyResourceAccepted(vendor: string, package: string)
    requires IsSegment(vendor) && IsSegment(package)
    ensures Parse(vendor + "/" + package + ":") == Some(QualifiedId(vendor + "/" + package, ""))
  {
    assert vendor + "/" + package + ":" + "" == vendor + "/" + package + ":";
    ParseRoundTrip(vendor, package, "");
  }

  /**
   * In a rendered identifier, a final space can only follow another space
   * or the colon: the resource itself never ends in one.
   */
  lemma RenderedFinalSpace(l: Layout)
    ensures var s := Render(l);
      NoSpace(l.tail.resource) && s[|s| - 1] == ' ' ==> |s| >= 2 && (s[|s| - 2] == ' ' || s[|s| - 2] == ':')
  {
    var s := Render(l);
    var t := l.tail;
    var tail := ":" + (Spaces(t.afterColon) + t.resource);
    assert s == (Spaces(l.lead) + (l.vendor + ("/" + (l.package + Spaces(t.beforeColon))))) + tail;
    if t.resource == [] {
      assert tail == ":" + Spaces(t.afterColon);
      if t.afterColon > 0 {
        assert s[|s| - 2] == tail[|tail| - 2];
      }
    } else {
      assert s[|s| - 1] == t.resource[|t.resource| - 1];
    }
  }

  /** A space after a non-empty resource makes the string a non-match. */
  lemma TrailingSpaceRejected(raw: string)
    requires |raw| >= 2 && raw[|raw| - 1] == ' ' && raw[|raw| - 2] != ' ' && raw[|raw| - 2] != ':'
    ensures Parse(raw) == None
  {
    match ParseLayout(raw)
    case None =>
    case Some(l) =>
      RenderedFinalSpace(l);
      assert false;
  }

  /**
   * A space after a non-empty resource makes the string a non-match, even
   * when the resource itself ends in ':'.
   */
  lemma TrailingSpaceAfterResource(l: Layout)
    requires l.WellFormed() && l.tail.resource != ""
    ensures Parse(Render(l) + " ") == None
  {
    var r := l.tail.resource + " ";
    var spaced := l.(tail := l.tail.(resource := r));
    assert Render(spaced) == Render(l) + " ";
    assert r[|r| - 1] == ' ';
    RenderScan(spaced);
  }

  /**
   * A scheme-like first token followed directly by ':' (as in
   * "http://bla") is never a module identifier, whatever follows.
   */
  lemma SchemeNeverMatches(lead: nat, scheme: string, rest: string)
    requires IsSegment(scheme)
    ensures Parse(Spaces(lead) + scheme + ":" + rest) == None
  {
    var raw := Spaces(lead) + scheme + ":" + rest;
    var s1 := scheme + (":" + rest);
    assert raw == Spaces(lead) + s1;
    assert s1[0] == scheme[0];
    CountSpacesOfPadded(lead, s1);
    assert raw[lead..] == s1;
    SegmentLengthOfSegment(scheme, ":" + rest);
    assert s1[|scheme|] == ':';
  }

  /** A URL `scheme:rest` with a segment-like scheme is not an identifier. */
  lemma SchemeUrlNeverMatches(url: string, scheme: string, rest: string)
    requires IsSegment(scheme) && url == scheme + ":" + rest
    ensures Parse(url) == None
  {
    assert url == Spaces(0) + scheme + ":" + rest;
    SchemeNeverMatches(0, scheme, rest);
  }

  /** The absolute URL "http://bla" is passed over by the grammar. */
  lemma AbsoluteUrlNeverMatches()
    ensures Parse("http://bla") == None
  {
    SchemeUrlNeverMatches("http://bla", "http", "//bla");
  }

  /** So is an absolute URL whose path contains a ':' after a '/'. */
  lemma UrlWithColonInPathNeverMatches()
    ensures Parse("http://example.com/x:y") == None
  {
    SchemeUrlNeverMatches("http://example.com/x:y", "http", "//example.com/x:y");
  }

  /** The falsy strings "" and "0" are not identifiers. */
  lemma FalsyStringsNeverMatch()
    ensures Parse("") == None && Parse("0") == None
  {
  }
}
