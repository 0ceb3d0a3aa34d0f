/**
 * What `fix_schema_imports` does to a schema text, proved from the model of `re.sub`
 * in module FixImports.
 *
 * The central result, FixDocument, is about texts made of a head followed by
 * `schemaLocation="…"` attributes, each followed by the text up to the next one.
 * When every location is free of quotes and the element is closed (a slash comes
 * before any further quote), both passes act on each location separately:
 * the text equals the same document with every location replaced by FixLocation.
 */
module FixImportsProperties {
  import opened Outcomes
  import opened FixImports

  // ---------------------------------------------------------------------------
  // The reference definition: what happens to one location
  // ---------------------------------------------------------------------------

  /** The part of a location after its last slash, if it has a slash. */
  function AfterLastSlash(v: string): Option<string> {
    match LastSlash(v, 0, |v|)
    case None => None
    case Some(s) => Some(v[s + 1..])
  }

  /** A name that the second pattern's group `[^/]+\.xsd` accepts whole. */
  predicate IsSchemaFileName(b: string) {
    |b| > |XsdSuffix| && EndsWith(b, XsdSuffix)
  }

  /** Pass 2 on one location: keep only what follows the last slash when that is a schema file name. */
  function StripDirectory(v: string): string {
    match AfterLastSlash(v)
    case Some(b) => if IsSchemaFileName(b) then b else v
    case None => v
  }

  /** Whether pattern `p` matches the attribute holding location `v` (in a well-formed document). */
  predicate Rewrites(p: Pattern, v: string) {
    match p
    case CommonTypesImport => IsCommonTypesLocation(v)
    case PathImport => AfterLastSlash(v).Some? && IsSchemaFileName(AfterLastSlash(v).value)
  }

  /** What pass `p` makes of location `v`. */
  function Rewrite(p: Pattern, v: string): string {
    match p
    case CommonTypesImport => if IsCommonTypesLocation(v) then CommonTypesFile else v
    case PathImport => StripDirectory(v)
  }

  /** Both passes, in source order, on one location. */
  function FixLocation(v: string): string {
    Rewrite(PathImport, Rewrite(CommonTypesImport, v))
  }

  // ---------------------------------------------------------------------------
  // Documents
  // ---------------------------------------------------------------------------

  /** One import attribute with its location and the text that follows it up to the next attribute. */
  datatype Import = Import(location: string, after: string)

  function ImportText(x: Import): string {
    Attribute(x.location) + x.after
  }

  function ImportsText(xs: seq<Import>): string {
    if xs == [] then [] else ImportText(xs[0]) + ImportsText(xs[1..])
  }

  /** The document's imports with pass `p` applied to each location. */
  function RewriteImports(p: Pattern, xs: seq<Import>): (ys: seq<Import>)
    ensures |ys| == |xs|
  {
    seq(|xs|, i requires 0 <= i < |xs| => Import(Rewrite(p, xs[i].location), xs[i].after))
  }

  /** The document's imports with both passes applied to each location. */
  function FixLocations(xs: seq<Import>): (ys: seq<Import>)
    ensures |ys| == |xs|
  {
    seq(|xs|, i requires 0 <= i < |xs| => Import(FixLocation(xs[i].location), xs[i].after))
  }

  /** A location free of quotes whose last character (if any) is not `=`. */
  predicate WellFormedLocation(v: string) {
    QuoteFree(v) && (v == [] || v[|v| - 1] != '=')
  }

  /** The text after an attribute reaches a slash (`/>`, `</…>`) before any quote. */
  predicate ClosesElement(u: string) {
    var k := FindFrom(u, 0, '/');
    k < |u| && QuoteFree(u[..k])
  }

  predicate WellFormedImport(x: Import) {
    WellFormedLocation(x.location) && !Contains(x.after, Tag) && ClosesElement(x.after)
  }

  predicate WellFormedImports(xs: seq<Import>) {
    forall i :: 0 <= i < |xs| ==> WellFormedImport(xs[i])
  }

  predicate WellFormedDocument(head: string, xs: seq<Import>) {
    !Contains(head, Tag) && WellFormedImports(xs)
  }

  // ---------------------------------------------------------------------------
  // Scanning
  // ---------------------------------------------------------------------------

  /** Whether matcher `m` matches at index `j` of `t`. */
  predicate MatchesAt(m: Matcher, t: string, j: nat)
    requires j <= |t|
  {
    m(t[j..]).Some?
  }

  /** Text in which no match starts is copied unchanged, and the scan resumes right after it. */
  lemma {:induction false} SkipUnmatched(m: Matcher, x: string, y: string)
    requires Advances(m)
    requires forall j :: 0 <= j < |x| ==> !MatchesAt(m, x + y, j)
    ensures SubstituteWith(m, x + y) == x + SubstituteWith(m, y)
    decreases |x|
  {
    if x == [] {
      assert x + y == y;
    } else {
      CopyFirst(m, x + y);
      NoMatchAfterFirst(m, x, y);
      SkipUnmatched(m, x[1..], y);
      ConsParts(x, y, SubstituteWith(m, y));
    }
  }

  /** Where no match starts, the first character is copied. */
  lemma CopyFirst(m: Matcher, t: string)
    requires Advances(m) && t != [] && !MatchesAt(m, t, 0)
    ensures SubstituteWith(m, t) == [t[0]] + SubstituteWith(m, t[1..])
  {
    assert t[0..] == t;
  }

  lemma ConsParts(x: string, y: string, z: string)
    requires x != []
    ensures (x + y)[0] == x[0] && (x + y)[1..] == x[1..] + y
    ensures [x[0]] + (x[1..] + z) == x + z
  {
    assert x == [x[0]] + x[1..];
  }

  lemma NoMatchAfterFirst(m: Matcher, x: string, y: string)
    requires x != [] && forall j :: 0 <= j < |x| ==> !MatchesAt(m, x + y, j)
    ensures forall j :: 0 <= j < |x[1..]| ==> !MatchesAt(m, x[1..] + y, j)
  {
    forall j | 0 <= j < |x[1..]|
      ensures !MatchesAt(m, x[1..] + y, j)
    {
      assert !MatchesAt(m, x + y, j + 1);
      assert (x[1..] + y)[j..] == (x + y)[j + 1..];
    }
  }

  /** A match at the start is replaced by its attribute, and the scan resumes right after it. */
  lemma ReplaceMatch(m: Matcher, t: string)
    requires Advances(m) && m(t).Some?
    ensures SubstituteWith(m, t) == Attribute(m(t).value.location) + SubstituteWith(m, t[m(t).value.end..])
  {
  }

  lemma TagFacts()
    ensures |Tag| == 16 && Tag[0] == 's' && Tag[14] == '=' && Tag[15] == '"'
    ensures forall i :: 0 < i < |Tag| ==> Tag[i] != 's'
    ensures forall i :: 0 <= i < |Tag| - 1 ==> Tag[i] != '"'
  {
  }

  /** No tag starts before the closing quote of a well-formed location: the tag has a single quote, after `=`. */
  lemma NoTagBeforeClose(w: string, tail: string)
    requires WellFormedLocation(w)
    ensures forall j :: 0 <= j <= |w| ==> !StartsWith((w + "\"" + tail)[j..], Tag)
  {
    TagFacts();
    var u := w + "\"" + tail;
    forall j | 0 <= j <= |w|
      ensures !StartsWith(u[j..], Tag)
    {
      if j + 15 < |w| {
        assert u[j..][15] == w[j + 15];
      } else if j + 15 == |w| {
        assert u[j..][14] == w[|w| - 1];
      } else {
        assert u[j..][|w| - j] == '"';
      }
    }
  }

  /** A tag-free text followed by a tag (or nothing) has no tag starting inside it. */
  lemma NoTagAcross(x: string, rest: string)
    requires !Contains(x, Tag)
    requires rest == [] || StartsWith(rest, Tag)
    ensures forall j :: 0 <= j < |x| ==> !StartsWith((x + rest)[j..], Tag)
  {
    TagFacts();
    var u := x + rest;
    forall j | 0 <= j < |x|
      ensures !StartsWith(u[j..], Tag)
    {
      if j + |Tag| <= |x| {
        assert x[j..j + |Tag|] == u[j..][..|Tag|];
        assert !OccursAt(x, Tag, j);
      }
    }
  }

  lemma AttributeLayout(v: string, tail: string)
    ensures |Attribute(v) + tail| == |Tag| + |v| + 1 + |tail|
    ensures StartsWith(Attribute(v) + tail, Tag)
    ensures forall j :: 0 <= j < |v| ==> (Attribute(v) + tail)[|Tag| + j] == v[j]
    ensures (Attribute(v) + tail)[|Tag| + |v|] == '"'
    ensures forall j :: 0 <= j < |tail| ==> (Attribute(v) + tail)[|Tag| + |v| + 1 + j] == tail[j]
    ensures (Attribute(v) + tail)[|Tag|..|Tag| + |v|] == v
    ensures (Attribute(v) + tail)[|Attribute(v)|..] == tail
  {
    var t := Attribute(v) + tail;
    assert t == Tag + v + "\"" + tail;
    assert t[..|Tag|] == Tag;
  }

  lemma AttributeStartsWithTag(v: string, tail: string)
    ensures StartsWith(Attribute(v) + tail, Tag)
  {
    assert (Attribute(v) + tail)[..|Tag|] == Tag;
  }

  /** The compiled pattern is the pattern's match at the start of the text. */
  lemma CompileIs(p: Pattern, u: string)
    ensures Compile(p)(u) == MatchAt(p, u)
  {
  }

  /** Inside an import, only its first character can start a match. */
  lemma NoMatchInsideImport(p: Pattern, x: Import, rest: string)
    requires WellFormedImport(x)
    requires rest == [] || StartsWith(rest, Tag)
    ensures forall j :: 0 < j < |ImportText(x)| ==> !MatchesAt(Compile(p), ImportText(x) + rest, j)
  {
    NoTagInsideImport(x, rest);
    var t := ImportText(x) + rest;
    forall j | 0 < j < |ImportText(x)|
      ensures !MatchesAt(Compile(p), t, j)
    {
      CompileIs(p, t[j..]);
    }
  }

  lemma NoTagInsideImport(x: Import, rest: string)
    requires WellFormedImport(x)
    requires rest == [] || StartsWith(rest, Tag)
    ensures forall j :: 0 < j < |ImportText(x)| ==> !StartsWith((ImportText(x) + rest)[j..], Tag)
  {
    TagFacts();
    var v, after := x.location, x.after;
    var t := ImportText(x) + rest;
    var n := |Tag|;
    assert t == Tag + (v + "\"" + (after + rest));
    NoTagBeforeClose(v, after + rest);
    NoTagAcross(after, rest);
    forall j | 0 < j < |ImportText(x)|
      ensures !StartsWith(t[j..], Tag)
    {
      if j < n {
        assert t[j] == Tag[j];
      } else if j <= n + |v| {
        assert t[j..] == (v + "\"" + (after + rest))[j - n..];
      } else {
        assert t[j..] == (after + rest)[j - n - |v| - 1..];
      }
    }
  }

  lemma FindFromIs(t: string, from: nat, c: char, k: nat)
    requires from <= k <= |t|
    requires k < |t| ==> t[k] == c
    requires forall j :: from <= j < k ==> t[j] != c
    ensures FindFrom(t, from, c) == k
  {
  }

  lemma LastSlashShift(t: string, d: nat, v: string, hi: nat)
    requires d + |v| <= |t| && hi <= |v|
    requires forall j :: 0 <= j < |v| ==> t[d + j] == v[j]
    ensures LastSlash(t, d, d + hi) == match LastSlash(v, 0, hi) case None => None case Some(s) => Some(d + s)
    decreases hi
  {
    if hi > 0 && v[hi - 1] != '/' {
      LastSlashShift(t, d, v, hi - 1);
    }
  }

  /** `t` holds the attribute with location `v`, then `after`, from its start. */
  predicate Layout(t: string, v: string, after: string) {
    |Tag| + |v| + 1 + |after| <= |t| && StartsWith(t, Tag)
    && (forall j :: 0 <= j < |v| ==> t[|Tag| + j] == v[j])
    && t[|Tag| + |v|] == '"'
    && (forall j :: 0 <= j < |after| ==> t[|Tag| + |v| + 1 + j] == after[j])
  }

  lemma ImportLayout(x: Import, rest: string)
    ensures Layout(ImportText(x) + rest, x.location, x.after)
    ensures (ImportText(x) + rest)[|Attribute(x.location)|..] == x.after + rest
  {
    AttributeLayout(x.location, x.after + rest);
    assert ImportText(x) + rest == Attribute(x.location) + (x.after + rest);
  }

  lemma RunEndAt(t: string, v: string, after: string, ls: nat, ka: nat)
    requires Layout(t, v, after)
    requires ls < |v| && forall j :: ls < j < |v| ==> v[j] != '/'
    requires ka < |after| && after[ka] == '/' && forall j :: 0 <= j < ka ==> after[j] != '/'
    ensures FindFrom(t, |Tag| + ls + 1, '/') == |Tag| + |v| + 1 + ka
  {
    var n := |Tag|;
    var r := n + |v| + 1 + ka;
    forall j | n + ls + 1 <= j < r
      ensures t[j] != '/'
    {
      if j < n + |v| {
        assert t[n + (j - n)] == v[j - n];
      } else if j > n + |v| {
        assert t[n + |v| + 1 + (j - n - |v| - 1)] == after[j - n - |v| - 1];
      }
    }
    assert t[n + |v| + 1 + ka] == after[ka];
    FindFromIs(t, n + ls + 1, '/', r);
  }

  lemma LastCloseAt(t: string, v: string, after: string, ls: nat, ka: nat)
    requires Layout(t, v, after)
    requires QuoteFree(v) && ls < |v|
    requires ka <= |after| && forall j :: 0 <= j < ka ==> after[j] != '"'
    ensures LastXsdClose(t, |Tag| + ls + 2, |Tag| + |v| + 1 + ka) ==
      if IsSchemaFileName(v[ls + 1..]) then Some(|Tag| + |v| - |XsdSuffix|) else None
  {
    OnlyCloseEndsValue(t, v, after, ls, ka);
    SchemaFileNameTail(v, ls);
    if |v| >= |XsdSuffix| {
      CloseEndsValue(t, v, after);
    }
  }

  /** Between the anchor and the next slash, `.xsd"` can only sit right before the closing quote. */
  lemma OnlyCloseEndsValue(t: string, v: string, after: string, ls: nat, ka: nat)
    requires Layout(t, v, after)
    requires QuoteFree(v) && ls < |v|
    requires ka <= |after| && forall j :: 0 <= j < ka ==> after[j] != '"'
    ensures forall k :: |Tag| + ls + 2 <= k && k + |XsdClose| <= |Tag| + |v| + 1 + ka && XsdCloseAt(t, k) ==>
      k == |Tag| + |v| - |XsdSuffix|
  {
    var n := |Tag|;
    forall k | n + ls + 2 <= k && k + |XsdClose| <= n + |v| + 1 + ka
      ensures XsdCloseAt(t, k) ==> k == n + |v| - |XsdSuffix|
    {
      if XsdCloseAt(t, k) {
        assert t[k + 4] == t[k..k + |XsdClose|][4];
      }
      if k + 4 < n + |v| {
        assert t[n + (k + 4 - n)] == v[k + 4 - n];
      } else if k + 4 > n + |v| {
        assert t[n + |v| + 1 + (k + 4 - n - |v| - 1)] == after[k + 4 - n - |v| - 1];
      }
    }
  }

  /** `.xsd"` sits right before the closing quote exactly when the value ends in `.xsd`. */
  lemma CloseEndsValue(t: string, v: string, after: string)
    requires Layout(t, v, after) && |v| >= |XsdSuffix|
    ensures XsdCloseAt(t, |Tag| + |v| - |XsdSuffix|) <==> EndsWith(v, XsdSuffix)
  {
    var n := |Tag|;
    var k0 := n + |v| - |XsdSuffix|;
    assert t[n + (|v| - 4)] == v[|v| - 4];
    assert t[n + (|v| - 3)] == v[|v| - 3];
    assert t[n + (|v| - 2)] == v[|v| - 2];
    assert t[n + (|v| - 1)] == v[|v| - 1];
    assert t[k0..k0 + |XsdClose|][4] == '"';
  }

  /** The part after index `ls` is a file name exactly when it is long enough and the whole value ends in `.xsd`. */
  lemma SchemaFileNameTail(v: string, ls: nat)
    requires ls < |v|
    ensures IsSchemaFileName(v[ls + 1..]) <==> |v| - |XsdSuffix| >= ls + 2 && EndsWith(v, XsdSuffix)
  {
    var b := v[ls + 1..];
    if |b| >= |XsdSuffix| {
      assert b[|b| - |XsdSuffix|..] == v[|v| - |XsdSuffix|..];
    }
  }

  /** Pattern 1 matches an attribute with a quote-free location exactly when it is a CommonTypes location, and then covers just the attribute. */
  lemma CommonTypesMatchOnLayout(t: string, v: string, after: string)
    requires Layout(t, v, after) && QuoteFree(v)
    ensures MatchCommonTypes(t) ==
      if IsCommonTypesLocation(v) then Some(Match(|Tag| + |v| + 1, CommonTypesFile)) else None
  {
    QuoteEndsLocation(t, v, after);
    LocationSlice(t, v, after, 0);
  }

  /**
   * Pattern 2 on an attribute with a well-formed location, in an element that is closed: it matches
   * exactly when the part of the location after its last slash is a schema file name, and the match
   * then ends at the closing quote, because the element reaches a slash before any further quote.
   */
  lemma PathMatchOnLayout(t: string, v: string, after: string)
    requires Layout(t, v, after) && WellFormedLocation(v) && ClosesElement(after)
    ensures MatchPath(t) ==
      if Rewrites(PathImport, v) then Some(Match(|Tag| + |v| + 1, StripDirectory(v))) else None
  {
    PathMatchSteps(t, v, after);
  }

  lemma PathMatchSteps(t: string, v: string, after: string)
    requires Layout(t, v, after) && WellFormedLocation(v) && ClosesElement(after)
    ensures MatchPath(t) ==
      match LastSlash(v, 0, |v|)
      case None => None
      case Some(ls) =>
        if IsSchemaFileName(v[ls + 1..]) then Some(Match(|Tag| + |v| + 1, v[ls + 1..])) else None
  {
    var n := |Tag|;
    PathAnchorOnLayout(t, v, after);
    match LastSlash(v, 0, |v|)
    case None =>
    case Some(ls) =>
      PathScanOnLayout(t, v, after, ls);
      LocationSlice(t, v, after, ls + 1);
      PathMatchAtSlash(t, n + |v|, n + ls, v[ls + 1..]);
  }

  /** Where pattern 2's anchor lies on a layout: the last slash of the location, if any. */
  lemma PathAnchorOnLayout(t: string, v: string, after: string)
    requires Layout(t, v, after) && QuoteFree(v)
    ensures FindFrom(t, |Tag|, '"') == |Tag| + |v|
    ensures LastSlash(t, |Tag|, |Tag| + |v|) ==
      match LastSlash(v, 0, |v|) case None => None case Some(s) => Some(|Tag| + s)
  {
    QuoteEndsLocation(t, v, after);
    LastSlashShift(t, |Tag|, v, |v|);
  }

  /**
   * Pattern 2 once its scan is known: the value ends at `q`, its last slash is at `s`, and
   * the only `.xsd"` in reach is the one ending the value exactly when `b`, the rest of the value, is a file name.
   */
  lemma PathMatchAtSlash(t: string, q: nat, s: nat, b: string)
    requires StartsWith(t, Tag) && |Tag| <= s < q < |t|
    requires FindFrom(t, |Tag|, '"') == q
    requires LastSlash(t, |Tag|, q) == Some(s)
    requires t[s + 1..q] == b
    requires LastXsdClose(t, s + 2, FindFrom(t, s + 1, '/')) ==
      if IsSchemaFileName(b) then Some(q - |XsdSuffix|) else None
    ensures MatchPath(t) == if IsSchemaFileName(b) then Some(Match(q + 1, b)) else None
  {
    MatchPathFrom(t, q, s, FindFrom(t, s + 1, '/'));
  }

  /** Where pattern 2's scan stops on a layout whose location has its last slash at `ls`. */
  lemma PathScanOnLayout(t: string, v: string, after: string, ls: nat)
    requires Layout(t, v, after) && WellFormedLocation(v) && ClosesElement(after)
    requires ls < |v| && v[ls] == '/' && forall j :: ls < j < |v| ==> v[j] != '/'
    ensures LastXsdClose(t, |Tag| + ls + 2, FindFrom(t, |Tag| + ls + 1, '/')) ==
      if IsSchemaFileName(v[ls + 1..]) then Some(|Tag| + |v| - |XsdSuffix|) else None
  {
    var ka := QuoteFreeBeforeSlash(after);
    RunEndAt(t, v, after, ls, ka);
    LastCloseAt(t, v, after, ls, ka);
  }

  /** The location of a layout ends at the first quote after the tag. */
  lemma QuoteEndsLocation(t: string, v: string, after: string)
    requires Layout(t, v, after) && QuoteFree(v)
    ensures FindFrom(t, |Tag|, '"') == |Tag| + |v|
  {
    forall j | |Tag| <= j < |Tag| + |v|
      ensures t[j] != '"'
    {
      assert t[|Tag| + (j - |Tag|)] == v[j - |Tag|];
    }
    FindFromIs(t, |Tag|, '"', |Tag| + |v|);
  }

  lemma LocationSlice(t: string, v: string, after: string, i: nat)
    requires Layout(t, v, after) && i <= |v|
    ensures t[|Tag| + i..|Tag| + |v|] == v[i..]
  {
  }

  /** A closed element reaches its first slash before any quote. */
  lemma QuoteFreeBeforeSlash(after: string) returns (ka: nat)
    requires ClosesElement(after)
    ensures ka == FindFrom(after, 0, '/') && ka < |after|
    ensures forall j :: 0 <= j < ka ==> after[j] != '"'
  {
    ka := FindFrom(after, 0, '/');
    forall j | 0 <= j < ka
      ensures after[j] != '"'
    {
      assert after[..ka][j] == after[j];
    }
  }

  /** Pattern 2 in terms of the positions its scan reaches. */
  lemma MatchPathFrom(t: string, q: nat, ls: nat, r: nat)
    requires StartsWith(t, Tag) && q == FindFrom(t, |Tag|, '"')
    requires LastSlash(t, |Tag|, q) == Some(ls)
    requires ls + 1 <= |t| && r == FindFrom(t, ls + 1, '/')
    ensures MatchPath(t) ==
      match LastXsdClose(t, ls + 2, r)
      case None => None
      case Some(k) => Some(Match(k + |XsdClose|, t[ls + 1..k + |XsdSuffix|]))
  {
  }

  lemma MatchOnImport(p: Pattern, x: Import, rest: string)
    requires WellFormedImport(x)
    ensures MatchAt(p, ImportText(x) + rest) ==
      if Rewrites(p, x.location) then Some(Match(|Attribute(x.location)|, Rewrite(p, x.location))) else None
  {
    ImportLayout(x, rest);
    match p
    case CommonTypesImport => CommonTypesMatchOnLayout(ImportText(x) + rest, x.location, x.after);
    case PathImport => PathMatchOnLayout(ImportText(x) + rest, x.location, x.after);
  }

  // ---------------------------------------------------------------------------
  // The pass-2 capture on an element that is not closed
  // ---------------------------------------------------------------------------

  lemma LastSlashIs(t: string, lo: nat, hi: nat, s: nat)
    requires lo <= s < hi <= |t| && t[s] == '/'
    requires forall j :: s < j < hi ==> t[j] != '/'
    ensures LastSlash(t, lo, hi) == Some(s)
  {
  }

  lemma LastXsdCloseIs(t: string, lo: nat, hi: nat, k: nat)
    requires hi <= |t| && lo <= k && k + |XsdClose| <= hi && XsdCloseAt(t, k)
    requires forall i :: k < i && i + |XsdClose| <= hi ==> !XsdCloseAt(t, i)
    ensures LastXsdClose(t, lo, hi) == Some(k)
  {
  }

  /**
   * Pattern 2's group `[^/]+` may pass the closing quote: on `schemaLocation="a/b" c.xsd"`
   * the value `a/b` does not end in `.xsd`, yet the match takes `b" c.xsd` as the name.
   */
  lemma PathCaptureRunsPastQuote()
    ensures MatchPath(Tag + "a/b\" c.xsd\"") == Some(Match(|Tag| + 11, "b\" c.xsd"))
  {
    var t := Tag + "a/b\" c.xsd\"";
    var n := |Tag|;
    PastQuoteAnchor(t);
    PastQuoteGroup(t);
    MatchPathFrom(t, n + 3, n + 1, |t|);
    assert t[n + 2..n + 10] == "b\" c.xsd";
  }

  /** On that text the first quote after the tag follows `a/b`, and the slash of `a/b` anchors. */
  lemma PastQuoteAnchor(t: string)
    requires t == Tag + "a/b\" c.xsd\""
    ensures StartsWith(t, Tag) && |t| == |Tag| + 11
    ensures FindFrom(t, |Tag|, '"') == |Tag| + 3 && LastSlash(t, |Tag|, |Tag| + 3) == Some(|Tag| + 1)
  {
    var n := |Tag|;
    assert t[..n] == Tag;
    assert t[n..] == "a/b\" c.xsd\"";
    FindFromIs(t, n, '"', n + 3);
    LastSlashIs(t, n, n + 3, n + 1);
  }

  /** On that text no slash follows the anchor, and the only `.xsd"` ends the text. */
  lemma PastQuoteGroup(t: string)
    requires t == Tag + "a/b\" c.xsd\""
    ensures FindFrom(t, |Tag| + 2, '/') == |t| && LastXsdClose(t, |Tag| + 3, |t|) == Some(|Tag| + 6)
  {
    var n := |Tag|;
    assert |t| == n + 11;
    assert t[n + 2..] == "b\" c.xsd\"";
    FindFromIs(t, n + 2, '/', |t|);
    assert XsdCloseAt(t, n + 6);
    LastXsdCloseIs(t, n + 3, |t|, n + 6);
  }

  /**
   * Why the document theorems need the element to be closed: with no slash between two
   * attributes, pattern 2 anchors at the first value's slash and its group runs on to the
   * next attribute's `.xsd"`. On `schemaLocation="x/y" schemaLocation="q.xsd"`, whose values
   * are both quote-free, the whole text is one match, replaced by `schemaLocation="y"
   * schemaLocation="q.xsd"`; the first text is what a first run makes of
   * `schemaLocation="x/y" schemaLocation="p/q.xsd"`, so a second run changes it again.
   */
  lemma PathCaptureSpansAttributes()
    ensures var t := Tag + "x/y\" " + Tag + "q.xsd\"";
      MatchPath(t) == Some(Match(|t|, "y\" " + Tag + "q.xsd"))
  {
    var t := Tag + "x/y\" " + Tag + "q.xsd\"";
    var n := |Tag|;
    SpanAnchor(t);
    SpanGroup(t);
    MatchPathFrom(t, n + 3, n + 1, |t|);
    assert t[n + 2..n + 26] == "y\" " + Tag + "q.xsd";
  }

  /** On that text the first quote after the tag follows `x/y`, and the slash of `x/y` anchors. */
  lemma SpanAnchor(t: string)
    requires t == Tag + "x/y\" " + Tag + "q.xsd\""
    ensures StartsWith(t, Tag) && |t| == |Tag| + 27
    ensures FindFrom(t, |Tag|, '"') == |Tag| + 3 && LastSlash(t, |Tag|, |Tag| + 3) == Some(|Tag| + 1)
  {
    var n := |Tag|;
    assert t[..n] == Tag;
    assert t[n..n + 5] == "x/y\" ";
    FindFromIs(t, n, '"', n + 3);
    LastSlashIs(t, n, n + 3, n + 1);
  }

  /** On that text no slash follows the anchor, and the last `.xsd"` is the second attribute's. */
  lemma SpanGroup(t: string)
    requires t == Tag + "x/y\" " + Tag + "q.xsd\""
    ensures FindFrom(t, |Tag| + 2, '/') == |t| && LastXsdClose(t, |Tag| + 3, |t|) == Some(|Tag| + 22)
  {
    var n := |Tag|;
    assert |t| == n + 27;
    assert t[n + 2..n + 5] == "y\" ";
    assert t[n + 5..n + 21] == Tag;
    assert t[n + 21..] == "q.xsd\"";
    assert SlashFree(Tag);
    FindFromIs(t, n + 2, '/', |t|);
    assert XsdCloseAt(t, n + 22);
    LastXsdCloseIs(t, n + 3, |t|, n + 22);
  }
}
