/**
 * The import-path rewriter of xml_validator.py: `fix_schema_imports` applies two
 * regular-expression substitutions, one after the other, to the text of a schema.
 * Each substitution is modelled as Python's `re.sub`: scan left to right, replace
 * the leftmost match, resume right after it, copy every other character.
 */
module FixImports {
  import opened Outcomes

  /** Every match of both patterns starts with this text. */
  const Tag: string := "schemaLocation=\""
  const XsdSuffix: string := ".xsd"
  /** `.xsd` followed by a closing quote: how every match of both patterns ends. */
  const XsdClose: string := ".xsd\""
  const CommonTypesMarker: string := "CommonTypes"
  /** The location every CommonTypes import is redirected to. */
  const CommonTypesFile: string := "CommonTypes-Schema.xsd"

  predicate StartsWith(s: string, w: string) {
    |w| <= |s| && s[..|w|] == w
  }

  predicate EndsWith(s: string, w: string) {
    |w| <= |s| && s[|s| - |w|..] == w
  }

  predicate OccursAt(s: string, w: string, k: nat) {
    k + |w| <= |s| && s[k..k + |w|] == w
  }

  /** Python's `w in s` on strings. */
  predicate Contains(s: string, w: string) {
    exists k: nat | k <= |s| :: OccursAt(s, w, k)
  }

  predicate QuoteFree(s: string) {
    forall i :: 0 <= i < |s| ==> s[i] != '"'
  }

  predicate SlashFree(s: string) {
    forall i :: 0 <= i < |s| ==> s[i] != '/'
  }

  /** The attribute `schemaLocation="value"`. */
  function Attribute(value: string): string {
    Tag + value + "\""
  }

  /** `k` is the first index at or after `from` holding `c`, or `|t|` when there is none. */
  predicate IsFirstFrom(t: string, from: nat, c: char, k: nat) {
    from <= k <= |t| && (k < |t| ==> t[k] == c) && forall j :: from <= j < k ==> t[j] != c
  }

  /** The index of the first `c` at or after `from`, or `|t|` when there is none. */
  function FindFrom(t: string, from: nat, c: char): (k: nat)
    requires from <= |t|
    ensures from <= k <= |t|
    ensures k < |t| ==> t[k] == c
    ensures forall j :: from <= j < k ==> t[j] != c
  {
    FirstExists(t, from, c);
    var k: nat :| IsFirstFrom(t, from, c, k);
    k
  }

  lemma FirstExists(t: string, from: nat, c: char)
    requires from <= |t|
    ensures exists k: nat :: IsFirstFrom(t, from, c, k)
    decreases |t| - from
  {
    if from < |t| && t[from] != c {
      FirstExists(t, from + 1, c);
      var k: nat :| IsFirstFrom(t, from + 1, c, k);
      assert IsFirstFrom(t, from, c, k);
    } else {
      assert IsFirstFrom(t, from, c, from);
    }
  }

  /** `s` is the last index in `[lo, hi)` holding a slash, or `hi` when there is none. */
  predicate IsLastSlash(t: string, lo: nat, hi: nat, s: nat)
    requires hi <= |t|
  {
    lo <= s <= hi && (s < hi ==> t[s] == '/') && forall j :: lo <= j < hi && (s < hi ==> s < j) ==> t[j] != '/'
  }

  /** The last index in `[lo, hi)` that holds a slash. */
  function LastSlash(t: string, lo: nat, hi: nat): (r: Option<nat>)
    requires lo <= hi <= |t|
    ensures r.None? ==> forall j :: lo <= j < hi ==> t[j] != '/'
    ensures r.Some? ==> lo <= r.value < hi && t[r.value] == '/'
    ensures r.Some? ==> forall j :: r.value < j < hi ==> t[j] != '/'
  {
    LastSlashExists(t, lo, hi);
    var s: nat :| IsLastSlash(t, lo, hi, s);
    if s < hi then Some(s) else None
  }

  lemma LastSlashExists(t: string, lo: nat, hi: nat)
    requires lo <= hi <= |t|
    ensures exists s: nat :: IsLastSlash(t, lo, hi, s)
    decreases hi - lo
  {
    if lo < hi && t[hi - 1] != '/' {
      LastSlashExists(t, lo, hi - 1);
      var s: nat :| IsLastSlash(t, lo, hi - 1, s);
      var s': nat := if s < hi - 1 then s else hi;
      assert IsLastSlash(t, lo, hi, s');
    } else if lo < hi {
      assert IsLastSlash(t, lo, hi, hi - 1);
    } else {
      assert IsLastSlash(t, lo, hi, hi);
    }
  }

  /** `.xsd"` occurs at index `k` of `t`. */
  predicate XsdCloseAt(t: string, k: nat) {
    k + |XsdClose| <= |t| && t[k..k + |XsdClose|] == XsdClose
  }

  /** `k` is the last `.xsd"` at or after `lo` that ends by `hi`, or is `hi` when there is none. */
  predicate IsLastXsdClose(t: string, lo: nat, hi: nat, k: nat) {
    k <= hi
    && (k < hi ==> lo <= k && k + |XsdClose| <= hi && XsdCloseAt(t, k))
    && forall i :: lo <= i && i + |XsdClose| <= hi && (k < hi ==> k < i) ==> !XsdCloseAt(t, i)
  }

  /** The last `k >= lo` at which `.xsd"` occurs and ends at or before `hi`. */
  function LastXsdClose(t: string, lo: nat, hi: nat): (r: Option<nat>)
    requires hi <= |t|
    ensures r.None? ==> forall k :: lo <= k && k + |XsdClose| <= hi ==> !XsdCloseAt(t, k)
    ensures r.Some? ==> lo <= r.value && r.value + |XsdClose| <= hi && XsdCloseAt(t, r.value)
    ensures r.Some? ==> forall k :: r.value < k && k + |XsdClose| <= hi ==> !XsdCloseAt(t, k)
  {
    LastXsdCloseExists(t, lo, hi);
    var k: nat :| IsLastXsdClose(t, lo, hi, k);
    if k < hi then Some(k) else None
  }

  lemma LastXsdCloseExists(t: string, lo: nat, hi: nat)
    requires hi <= |t|
    ensures exists k: nat :: IsLastXsdClose(t, lo, hi, k)
    decreases hi
  {
    if hi < lo + |XsdClose| {
      assert IsLastXsdClose(t, lo, hi, hi);
    } else if XsdCloseAt(t, hi - |XsdClose|) {
      assert IsLastXsdClose(t, lo, hi, hi - |XsdClose|);
    } else {
      LastXsdCloseExists(t, lo, hi - 1);
      var k: nat :| IsLastXsdClose(t, lo, hi - 1, k);
      var k': nat := if k < hi - 1 then k else hi;
      forall i | lo <= i && i + |XsdClose| <= hi && (k' < hi ==> k' < i)
        ensures !XsdCloseAt(t, i)
      {
        if i + |XsdClose| == hi {
          assert i == hi - |XsdClose|;
        }
      }
      assert IsLastXsdClose(t, lo, hi, k');
    }
  }

  /**
   * A quote-free location that the first pattern, `[^"]*CommonTypes[^"]*\.xsd`,
   * matches in full: it ends in `.xsd` and has `CommonTypes` before that suffix.
   */
  predicate IsCommonTypesLocation(v: string) {
    EndsWith(v, XsdSuffix) && Contains(v[..|v| - |XsdSuffix|], CommonTypesMarker)
  }

  datatype Pattern = CommonTypesImport | PathImport

  /**
   * A match at the start of the text: its length and the location value of the
   * attribute that replaces it (both replacements are `schemaLocation="value"`).
   */
  datatype Match = Match(end: nat, location: string)

  /**
   * Pattern 1, `schemaLocation="[^"]*CommonTypes[^"]*\.xsd"`, at the start of `t`.
   * Neither `[^"]*` can pass a quote, so a match runs exactly to the first quote
   * after the tag, and the value before that quote must contain `CommonTypes` and end in `.xsd`.
   */
  function MatchCommonTypes(t: string): (m: Option<Match>)
    ensures m.Some? ==> StartsWith(t, Tag) && |Tag| < m.value.end <= |t|
    ensures m.Some? ==> m.value.location == CommonTypesFile
  {
    if !StartsWith(t, Tag) then None else CommonTypesAfterTag(t)
  }

  /** Pattern 1 past its literal tag. */
  function CommonTypesAfterTag(t: string): (m: Option<Match>)
    requires StartsWith(t, Tag)
    ensures m.Some? ==> |Tag| < m.value.end <= |t| && m.value.location == CommonTypesFile
  {
    var q := FindFrom(t, |Tag|, '"');
    if q < |t| && IsCommonTypesLocation(t[|Tag|..q]) then Some(Match(q + 1, CommonTypesFile))
    else None
  }

  // Pattern 2, schemaLocation="[^"]*/([^/]+\.xsd)", at the start of `t`, found in the
  // regex engine's backtracking order. The greedy `[^"]*` gives up characters until a
  // slash follows, so the only slash that can anchor a match is the last one before
  // the first quote after the tag (an earlier one leaves only quote-free, slash-free text
  // before the next slash, with no `.xsd"` in it). The greedy `[^/]+` then takes the
  // longest non-empty slash-free stretch that is followed by `.xsd"`: the group ends at the
  // LAST `.xsd"` before the next slash, which may lie beyond the closing quote of the value.
  function MatchPath(t: string): (m: Option<Match>)
    ensures m.Some? ==> StartsWith(t, Tag) && |Tag| < m.value.end <= |t|
  {
    if !StartsWith(t, Tag) then None else PathAfterTag(t)
  }

  /** Pattern 2 past its literal tag. */
  function PathAfterTag(t: string): (m: Option<Match>)
    requires StartsWith(t, Tag)
    ensures m.Some? ==> |Tag| < m.value.end <= |t|
  {
    var q := FindFrom(t, |Tag|, '"');
    match LastSlash(t, |Tag|, q)
    case None => None
    case Some(s) =>
      match LastXsdClose(t, s + 2, FindFrom(t, s + 1, '/'))
      case None => None
      case Some(k) => Some(Match(k + |XsdClose|, t[s + 1..k + |XsdSuffix|]))
  }

  function MatchAt(p: Pattern, t: string): (m: Option<Match>)
    ensures m.Some? ==> StartsWith(t, Tag) && 0 < m.value.end <= |t|
  {
    match p
    case CommonTypesImport => MatchCommonTypes(t)
    case PathImport => MatchPath(t)
  }

  /** A compiled pattern as `re.sub` uses it: the match at the start of a text, if any. */
  type Matcher = string -> Option<Match>

  /** Every match covers at least one character and stays inside the text. */
  ghost predicate Advances(m: Matcher) {
    forall u :: m(u).Some? ==> 0 < m(u).value.end <= |u|
  }

  /**
   * `re.sub` with replacement `schemaLocation="location"`: scan left to right, replace each
   * leftmost match, copy the rest. A text in which no match starts anywhere is returned as is.
   */
  function SubstituteWith(m: Matcher, t: string): (r: string)
    requires Advances(m)
    ensures (forall j :: 0 <= j < |t| ==> m(t[j..]).None?) ==> r == t
    decreases |t|
  {
    if t == [] then []
    else
      assert t[0..] == t;
      match m(t)
      case Some(h) => Attribute(h.location) + SubstituteWith(m, t[h.end..])
      case None =>
        assert forall j :: 0 <= j < |t| - 1 ==> t[1..][j..] == t[j + 1..];
        [t[0]] + SubstituteWith(m, t[1..])
  }

  function Compile(p: Pattern): (m: Matcher)
    ensures Advances(m)
  {
    u => MatchAt(p, u)
  }

  /** A tag starting at `j` of `t` is an occurrence of it in `t`. */
  lemma StartsWithOccurs(t: string, j: nat)
    requires j <= |t|
    ensures StartsWith(t[j..], Tag) ==> OccursAt(t, Tag, j)
  {
    if StartsWith(t[j..], Tag) {
      assert t[j..][..|Tag|] == t[j..j + |Tag|];
    }
  }

  /** Both patterns start with the tag, so neither matches at `j` of a text without it. */
  lemma NoTagNoMatchAt(p: Pattern, t: string, j: nat)
    requires j <= |t|
    ensures !Contains(t, Tag) ==> MatchAt(p, t[j..]).None?
  {
    StartsWithOccurs(t, j);
  }

  /** Neither pattern matches anywhere in a text without the tag. */
  lemma NoTagNoMatch(p: Pattern, t: string)
    ensures !Contains(t, Tag) ==> forall j :: 0 <= j < |t| ==> Compile(p)(t[j..]).None?
  {
    forall j | 0 <= j < |t|
      ensures !Contains(t, Tag) ==> Compile(p)(t[j..]).None?
    {
      NoTagNoMatchAt(p, t, j);
      assert Compile(p)(t[j..]) == MatchAt(p, t[j..]);
    }
  }

  /** `re.sub(pattern, replacement, t)` for one of the two patterns; a text without the tag is kept. */
  function Substitute(p: Pattern, t: string): (r: string)
    ensures !Contains(t, Tag) ==> r == t
  {
    NoTagNoMatch(p, t);
    SubstituteWith(Compile(p), t)
  }

  /**
   * `fix_schema_imports`: the CommonTypes pass over the whole text, then the path pass.
   * A text without `schemaLocation="` comes back unchanged, character for character.
   */
  function FixSchemaImports(content: string): (r: string)
    ensures !Contains(content, Tag) ==> r == content
  {
    Substitute(PathImport, Substitute(CommonTypesImport, content))
  }
}
