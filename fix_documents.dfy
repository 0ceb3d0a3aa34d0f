/**
 * `fix_schema_imports` on whole schema texts, and what it does to one location.
 *
 * FixDocument states that on a well-formed document both passes rewrite each
 * `schemaLocation` value on its own, by FixLocation, and leave every other
 * character where it was. The location lemmas then give the promised outcomes:
 * CommonTypes imports are redirected, directory prefixes disappear, bare names and
 * `CommonTypes-Schema.xsd` stay, and a second run changes nothing.
 */
module FixDocuments {
  import opened Outcomes
  import opened FixImports
  import opened FixImportsProperties

  // ---------------------------------------------------------------------------
  // One location
  // ---------------------------------------------------------------------------

  /** A location the pass leaves alone is kept; one it rewrites becomes the CommonTypes file or the name after the last slash. */
  lemma RewriteCases(p: Pattern, v: string)
    ensures !Rewrites(p, v) ==> Rewrite(p, v) == v
    ensures Rewrites(p, v) && p == CommonTypesImport ==> Rewrite(p, v) == CommonTypesFile
    ensures Rewrites(p, v) && p == PathImport ==> Rewrite(p, v) == AfterLastSlash(v).value
  {
  }

  lemma CommonTypesFileFacts()
    ensures SlashFree(CommonTypesFile) && WellFormedLocation(CommonTypesFile)
    ensures IsCommonTypesLocation(CommonTypesFile)
  {
    var w := CommonTypesFile[..|CommonTypesFile| - |XsdSuffix|];
    assert w == "CommonTypes-Schema";
    assert w[0..11] == CommonTypesMarker;
    assert OccursAt(w, CommonTypesMarker, 0);
  }

  /** A slash-free location has no directory to strip. */
  lemma SlashFreeKept(v: string)
    requires SlashFree(v)
    ensures AfterLastSlash(v) == None && StripDirectory(v) == v && !Rewrites(PathImport, v)
  {
  }

  /** What follows the last slash is slash-free and a suffix of the location. */
  lemma AfterLastSlashFacts(v: string)
    requires AfterLastSlash(v).Some?
    ensures SlashFree(AfterLastSlash(v).value)
    ensures exists i :: 0 < i <= |v| && AfterLastSlash(v).value == v[i..]
  {
    var s := LastSlash(v, 0, |v|).value;
    assert AfterLastSlash(v).value == v[s + 1..];
  }

  /** An occurrence inside a slice is an occurrence in the whole text, shifted by the slice's start. */
  lemma OccursInSlice(s: string, lo: nat, hi: nat, w: string, k: nat)
    requires lo <= hi <= |s| && OccursAt(s[lo..hi], w, k)
    ensures OccursAt(s, w, lo + k) && lo + k + |w| <= hi
  {
    forall j | 0 <= j < |w|
      ensures s[lo + k + j] == w[j]
    {
      assert s[lo..hi][k..k + |w|][j] == w[j];
    }
    assert s[lo + k..lo + k + |w|] == w;
  }

  /** An occurrence that ends by `hi` is an occurrence in the prefix up to `hi`. */
  lemma OccursInPrefix(s: string, hi: nat, w: string, k: nat)
    requires hi <= |s| && OccursAt(s, w, k) && k + |w| <= hi
    ensures OccursAt(s[..hi], w, k)
  {
    assert s[..hi][k..k + |w|] == s[k..k + |w|];
  }

  /** A CommonTypes location that is a suffix of a longer location makes that one a CommonTypes location too. */
  lemma CommonTypesSuffix(v: string, i: nat)
    requires i <= |v| && IsCommonTypesLocation(v[i..])
    ensures IsCommonTypesLocation(v)
  {
    var w := v[i..];
    var n := |XsdSuffix|;
    assert v[|v| - n..] == w[|w| - n..];
    assert w[..|w| - n] == v[i..|v| - n];
    var k: nat :| k <= |w[..|w| - n]| && OccursAt(w[..|w| - n], CommonTypesMarker, k);
    OccursInSlice(v, i, |v| - n, CommonTypesMarker, k);
    OccursInPrefix(v, |v| - n, CommonTypesMarker, i + k);
  }

  /** Python's `w in v`: a CommonTypes location contains `CommonTypes`. */
  lemma CommonTypesContainsMarker(v: string)
    requires IsCommonTypesLocation(v)
    ensures Contains(v, CommonTypesMarker)
  {
    var n := |XsdSuffix|;
    var k: nat :| k <= |v[..|v| - n]| && OccursAt(v[..|v| - n], CommonTypesMarker, k);
    assert v[..|v| - n] == v[0..|v| - n];
    OccursInSlice(v, 0, |v| - n, CommonTypesMarker, k);
  }

  /** A schema file name cut from a quote-free location is a well-formed location. */
  lemma SchemaFileNameWellFormed(v: string, i: nat)
    requires QuoteFree(v) && i <= |v| && IsSchemaFileName(v[i..])
    ensures WellFormedLocation(v[i..])
  {
    var b := v[i..];
    assert b[|b| - 1] == b[|b| - |XsdSuffix|..][|XsdSuffix| - 1];
    forall j | 0 <= j < |b|
      ensures b[j] != '"'
    {
      assert b[j] == v[i + j];
    }
  }

  /** Both passes keep a location free of quotes and not ending in `=`. */
  lemma RewriteWellFormed(p: Pattern, v: string)
    requires WellFormedLocation(v)
    ensures WellFormedLocation(Rewrite(p, v))
  {
    RewriteCases(p, v);
    CommonTypesFileFacts();
    if Rewrites(p, v) && p == PathImport {
      AfterLastSlashFacts(v);
      var i :| 0 < i <= |v| && AfterLastSlash(v).value == v[i..];
      SchemaFileNameWellFormed(v, i);
    }
  }

  /** Every rewritten location is slash-free: no directory survives. */
  lemma RewrittenSlashFree(p: Pattern, v: string)
    requires Rewrites(p, v)
    ensures SlashFree(Rewrite(p, v))
  {
    RewriteCases(p, v);
    CommonTypesFileFacts();
    if p == PathImport {
      AfterLastSlashFacts(v);
    }
  }

  /**
   * Pass 1 on a location with `CommonTypes` before its `.xsd` suffix gives exactly
   * `CommonTypes-Schema.xsd`, whatever prefix it had, and pass 2 keeps that.
   */
  lemma CommonTypesRedirected(v: string)
    requires IsCommonTypesLocation(v)
    ensures FixLocation(v) == CommonTypesFile
  {
    CommonTypesFileFacts();
    SlashFreeKept(CommonTypesFile);
  }

  /** A location without `CommonTypes` whose last slash is followed by a schema file name keeps only that name. */
  lemma DirectoryStripped(v: string, s: nat)
    requires s < |v| && v[s] == '/' && SlashFree(v[s + 1..])
    requires !Contains(v, CommonTypesMarker) && IsSchemaFileName(v[s + 1..])
    ensures FixLocation(v) == v[s + 1..]
  {
    if IsCommonTypesLocation(v) {
      CommonTypesContainsMarker(v);
    }
  }

  /** A bare location, with no slash and no `CommonTypes`, is left as is. */
  lemma BareLocationKept(v: string)
    requires SlashFree(v) && !Contains(v, CommonTypesMarker)
    ensures FixLocation(v) == v
  {
    if IsCommonTypesLocation(v) {
      CommonTypesContainsMarker(v);
    }
    SlashFreeKept(v);
  }

  /** `CommonTypes-Schema.xsd` is a fixed point, so an already redirected import stays put. */
  lemma CommonTypesFileFixed()
    ensures FixLocation(CommonTypesFile) == CommonTypesFile
  {
    CommonTypesFileFacts();
    CommonTypesRedirected(CommonTypesFile);
  }

  /** Fixing a location twice is fixing it once. */
  lemma FixLocationIdempotent(v: string)
    ensures FixLocation(FixLocation(v)) == FixLocation(v)
  {
    var v1 := Rewrite(CommonTypesImport, v);
    var v2 := Rewrite(PathImport, v1);
    CommonTypesFileFacts();
    RewriteCases(CommonTypesImport, v);
    RewriteCases(PathImport, v1);
    if IsCommonTypesLocation(v) {
      CommonTypesRedirected(v);
      CommonTypesFileFixed();
    } else if Rewrites(PathImport, v1) {
      AfterLastSlashFacts(v1);
      var i :| 0 < i <= |v1| && v2 == v1[i..];
      if IsCommonTypesLocation(v2) {
        CommonTypesSuffix(v1, i);
      }
      RewriteCases(CommonTypesImport, v2);
      SlashFreeKept(v2);
    } else {
      RewriteCases(CommonTypesImport, v2);
    }
  }

  // ---------------------------------------------------------------------------
  // One pass over a document
  // ---------------------------------------------------------------------------

  /** A document's imports start with the tag, unless there are none. */
  lemma ImportsTextStart(xs: seq<Import>)
    ensures ImportsText(xs) == [] || StartsWith(ImportsText(xs), Tag)
  {
    if xs != [] {
      var u := xs[0].after + ImportsText(xs[1..]);
      assert ImportsText(xs) == ImportText(xs[0]) + ImportsText(xs[1..]);
      assert ImportText(xs[0]) + ImportsText(xs[1..]) == Attribute(xs[0].location) + u;
      AttributeStartsWithTag(xs[0].location, u);
    }
  }

  /** No match starts in the text after an import's attribute. */
  lemma AfterUnmatched(p: Pattern, x: Import, rest: string)
    requires WellFormedImport(x)
    requires rest == [] || StartsWith(rest, Tag)
    ensures forall j :: 0 <= j < |x.after| ==> !MatchesAt(Compile(p), x.after + rest, j)
  {
    NoMatchInsideImport(p, x, rest);
    ImportSuffix(x, rest);
    ShiftUnmatched(Compile(p), ImportText(x) + rest, |Attribute(x.location)|, x.after + rest, |x.after|);
  }

  /** What follows an import's attribute is its trailing text, then the rest. */
  lemma ImportSuffix(x: Import, rest: string)
    ensures |ImportText(x)| == |Attribute(x.location)| + |x.after|
    ensures (ImportText(x) + rest)[|Attribute(x.location)|..] == x.after + rest
  {
    assert ImportText(x) + rest == Attribute(x.location) + (x.after + rest);
  }

  /** Where no match starts in `t` before `a + k` (but after 0), none starts in the first `k` places of the suffix `t[a..]`. */
  lemma ShiftUnmatched(m: Matcher, t: string, a: nat, u: string, k: nat)
    requires 0 < a <= |t| && t[a..] == u && k <= |u|
    requires forall j :: 0 < j < a + k ==> !MatchesAt(m, t, j)
    ensures forall j :: 0 <= j < k ==> !MatchesAt(m, u, j)
  {
    forall j | 0 <= j < k
      ensures !MatchesAt(m, u, j)
    {
      assert !MatchesAt(m, t, a + j);
      assert u[j..] == t[a + j..];
    }
  }

  lemma DropPrefix(a: string, b: string, c: string)
    ensures (a + b + c)[|a|..] == b + c
  {
  }

  /** A match that covers `a` exactly, followed by text where no match starts: `a` is replaced and the text copied. */
  lemma ReplaceThenCopy(m: Matcher, a: string, after: string, rest: string, location: string)
    requires Advances(m)
    requires m(a + after + rest) == Some(Match(|a|, location))
    requires forall j :: 0 <= j < |after| ==> !MatchesAt(m, after + rest, j)
    ensures SubstituteWith(m, a + after + rest) == Attribute(location) + after + SubstituteWith(m, rest)
  {
    var t := a + after + rest;
    ReplaceMatch(m, t);
    DropPrefix(a, after, rest);
    assert t[|a|..] == after + rest;
    assert SubstituteWith(m, t) == Attribute(location) + SubstituteWith(m, after + rest);
    SkipUnmatched(m, after, rest);
  }

  /** Text where no match starts is copied whole. */
  lemma CopyUnmatched(m: Matcher, u: string, rest: string)
    requires Advances(m)
    requires m(u + rest).None?
    requires forall j :: 0 < j < |u| ==> !MatchesAt(m, u + rest, j)
    ensures SubstituteWith(m, u + rest) == u + SubstituteWith(m, rest)
  {
    assert (u + rest)[0..] == u + rest;
    SkipUnmatched(m, u, rest);
  }

  /** A matched import: its attribute is replaced and the rest of it copied. */
  lemma PassOnMatchedImport(p: Pattern, x: Import, rest: string)
    requires WellFormedImport(x) && Rewrites(p, x.location)
    requires rest == [] || StartsWith(rest, Tag)
    ensures Substitute(p, ImportText(x) + rest) == Attribute(Rewrite(p, x.location)) + x.after + Substitute(p, rest)
  {
    CompileIs(p, ImportText(x) + rest);
    MatchOnImport(p, x, rest);
    AfterUnmatched(p, x, rest);
    ReplaceThenCopy(Compile(p), Attribute(x.location), x.after, rest, Rewrite(p, x.location));
  }

  /** An unmatched import is copied whole. */
  lemma PassOnUnmatchedImport(p: Pattern, x: Import, rest: string)
    requires WellFormedImport(x) && !Rewrites(p, x.location)
    requires rest == [] || StartsWith(rest, Tag)
    ensures Substitute(p, ImportText(x) + rest) == ImportText(x) + Substitute(p, rest)
  {
    CompileIs(p, ImportText(x) + rest);
    MatchOnImport(p, x, rest);
    NoMatchInsideImport(p, x, rest);
    CopyUnmatched(Compile(p), ImportText(x), rest);
  }

  /** Pass `p` on one import followed by further imports: the import's location is rewritten on its own. */
  lemma PassOnImport(p: Pattern, x: Import, rest: string)
    requires WellFormedImport(x)
    requires rest == [] || StartsWith(rest, Tag)
    ensures Substitute(p, ImportText(x) + rest) == ImportText(Import(Rewrite(p, x.location), x.after)) + Substitute(p, rest)
  {
    RewriteCases(p, x.location);
    if Rewrites(p, x.location) {
      PassOnMatchedImport(p, x, rest);
    } else {
      PassOnUnmatchedImport(p, x, rest);
    }
  }

  /** The first import of a run, passed over by `p`. */
  lemma PassOnFirstImport(p: Pattern, xs: seq<Import>)
    requires xs != [] && WellFormedImport(xs[0])
    ensures Substitute(p, ImportsText(xs)) == ImportText(RewriteImports(p, xs)[0]) + Substitute(p, ImportsText(xs[1..]))
  {
    ImportsTextStart(xs[1..]);
    PassOnImport(p, xs[0], ImportsText(xs[1..]));
  }

  lemma RewriteImportsText(p: Pattern, xs: seq<Import>)
    requires xs != []
    ensures ImportsText(RewriteImports(p, xs)) == ImportText(RewriteImports(p, xs)[0]) + ImportsText(RewriteImports(p, xs[1..]))
  {
    assert RewriteImports(p, xs)[1..] == RewriteImports(p, xs[1..]);
  }

  lemma WellFormedSplit(xs: seq<Import>)
    requires xs != [] && WellFormedImports(xs)
    ensures WellFormedImport(xs[0]) && WellFormedImports(xs[1..])
  {
    assert forall i :: 0 <= i < |xs[1..]| ==> xs[1..][i] == xs[i + 1];
  }

  /** Pass `p` over a run of well-formed imports rewrites each location and nothing else. */
  lemma {:induction false} PassOnImports(p: Pattern, xs: seq<Import>)
    requires WellFormedImports(xs)
    ensures Substitute(p, ImportsText(xs)) == ImportsText(RewriteImports(p, xs))
    decreases |xs|
  {
    if xs == [] {
      assert Substitute(p, []) == [];
    } else {
      WellFormedSplit(xs);
      PassOnFirstImport(p, xs);
      PassOnImports(p, xs[1..]);
      RewriteImportsText(p, xs);
    }
  }

  /** Pass `p` over a well-formed document keeps the head and rewrites each import's location. */
  lemma PassOnDocument(p: Pattern, head: string, xs: seq<Import>)
    requires WellFormedDocument(head, xs)
    ensures Substitute(p, head + ImportsText(xs)) == head + ImportsText(RewriteImports(p, xs))
  {
    var m := Compile(p);
    var t := head + ImportsText(xs);
    ImportsTextStart(xs);
    NoTagAcross(head, ImportsText(xs));
    forall j | 0 <= j < |head|
      ensures !MatchesAt(m, t, j)
    {
      CompileIs(p, t[j..]);
    }
    SkipUnmatched(m, head, ImportsText(xs));
    PassOnImports(p, xs);
  }

  // ---------------------------------------------------------------------------
  // Both passes
  // ---------------------------------------------------------------------------

  lemma RewriteImportsWellFormed(p: Pattern, head: string, xs: seq<Import>)
    requires WellFormedDocument(head, xs)
    ensures WellFormedDocument(head, RewriteImports(p, xs))
  {
    forall i | 0 <= i < |xs|
      ensures WellFormedImport(RewriteImports(p, xs)[i])
    {
      RewriteWellFormed(p, xs[i].location);
    }
  }

  /**
   * `fix_schema_imports` on a well-formed document: the head and the text after each
   * attribute are kept, in order, and each location becomes FixLocation of it.
   */
  lemma FixDocument(head: string, xs: seq<Import>)
    requires WellFormedDocument(head, xs)
    ensures FixSchemaImports(head + ImportsText(xs)) == head + ImportsText(FixLocations(xs))
  {
    var ys := RewriteImports(CommonTypesImport, xs);
    PassOnDocument(CommonTypesImport, head, xs);
    RewriteImportsWellFormed(CommonTypesImport, head, xs);
    PassOnDocument(PathImport, head, ys);
    assert RewriteImports(PathImport, ys) == FixLocations(xs);
  }

  /** The fixed document is well formed again. */
  lemma FixLocationsWellFormed(head: string, xs: seq<Import>)
    requires WellFormedDocument(head, xs)
    ensures WellFormedDocument(head, FixLocations(xs))
  {
    forall i | 0 <= i < |xs|
      ensures WellFormedImport(FixLocations(xs)[i])
    {
      RewriteWellFormed(CommonTypesImport, xs[i].location);
      RewriteWellFormed(PathImport, Rewrite(CommonTypesImport, xs[i].location));
    }
  }

  /** Running `fix_schema_imports` on its own output changes nothing. */
  lemma FixIdempotent(head: string, xs: seq<Import>)
    requires WellFormedDocument(head, xs)
    ensures FixSchemaImports(FixSchemaImports(head + ImportsText(xs))) == FixSchemaImports(head + ImportsText(xs))
  {
    FixDocument(head, xs);
    FixLocationsWellFormed(head, xs);
    FixDocument(head, FixLocations(xs));
    forall i | 0 <= i < |xs|
      ensures FixLocations(FixLocations(xs))[i] == FixLocations(xs)[i]
    {
      FixLocationIdempotent(xs[i].location);
    }
    assert FixLocations(FixLocations(xs)) == FixLocations(xs);
  }
}
